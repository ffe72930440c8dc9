/** Where a resize leaves the cursor. */
module ResizeCursors {
  import opened Wrappers
  import opened Basics
  import opened TerminalRows
  import opened TerminalRing
  import opened FastResize
  import opened Reflow
  import opened ReflowText
  import opened TerminalResize
  import opened TerminalState
  import opened Typing
  import opened Pages
  import opened Retyping
  import opened ReflowLines
  import opened LineBreaks
  import opened PageReading

  // ----- The number of rows changes -----

  /**
    On the main screen the cursor keeps its line and its column, unless that line is now in the history; exactly then
    it goes to the origin.
   */
  lemma FastCursor(r: Ring, newRows: nat, col: nat, row: nat, style: Style)
    requires Valid(r) && 2 <= r.cols && 1 <= newRows <= |r.view| && row < r.rows
    ensures var s := Resize(r, r.cols, newRows, |r.view|, col, row, style, false);
            && Valid(s.ring)
            && if r.active + row < s.ring.active then s.col == 0 && s.row == 0
               else
                 && s.col == col && 0 <= s.row < s.ring.rows && s.ring.active + s.row == r.active + row
                 && s.ring.view[s.row] == r.view[row]
  {
    hide Resized, AllLines;
    ResizeKeepsLines(r, newRows, row, style);
    ResizeCursor(r, newRows, row);
    var r' := Resized(r, newRows, |r.view|, row, style, false);
    var shift := ShiftOfTop(r, newRows, row);
    if 0 <= row - shift {
      LineAt(r, r.active + row);
      LineAt(r', r.active + row);
    }
  }

  /** On the alternate screen, which has no history, it moves up with the rows that go off the top. */
  lemma AltFastCursor(r: Ring, newRows: nat, col: nat, row: nat, style: Style)
    requires CanResize(r, r.cols, newRows, newRows, true) && newRows <= |r.view| && row < r.rows
    ensures var s := Resize(r, r.cols, newRows, newRows, col, row, style, true);
            var gone := ShiftOfTop(r, newRows, row);
            && gone <= r.rows - newRows
            && if row < gone then s.col == 0 && s.row == 0 else s.col == col && s.row == row - gone
  {
    hide Resized, SkipBlankRows;
  }

  // ----- The number of columns changes: positions in the output -----

  /** The number of rows above the screen, those that fell off included. */
  function Base(o: Output): nat {
    |o.lost| + o.ring.active
  }

  /** Rows go off the top only when the last row is reached. */
  predicate Anchored(o: Output) {
    o.row < o.ring.rows - 1 ==> Base(o) == 0
  }

  /** From o to o' the output has not moved back, and the recorded cursor is d rows further down. */
  predicate Tracks(o: Output, o': Output, d: int) {
    && Anchored(o') && o'.ring.rows == o.ring.rows && Base(o) + o.row <= Base(o') + o'.row && o'.placed == o.placed
    && (o.placed ==> o'.cursorCol == o.cursorCol && Base(o') + o'.cursorRow == Base(o) + o.cursorRow + d)
  }

  lemma NewLineTracks(o: Output, style: Style, moveCursor: bool)
    requires Ready(o) && Anchored(o)
    ensures var o' := NewLine(o, style, moveCursor);
            && Tracks(o, o', if !moveCursor && o.row == o.ring.rows - 1 then 1 else 0)
            && o'.row == Min(o.row + 1, o.ring.rows - 1) && Base(o') + o'.row == Base(o) + o.row + 1
  {
    hide ScrolledView, BlankFrom;
  }

  /** The rows that n new lines scroll off. */
  function Over(o: Output, n: nat): int {
    Max(0, o.row + n - (o.ring.rows - 1))
  }

  lemma {:induction false} NewLinesTrack(o: Output, n: nat, style: Style)
    requires Ready(o) && Anchored(o) && o.row < o.ring.rows
    ensures var o' := NewLines(o, n, style);
            Tracks(o, o', Over(o, n)) && o'.row == Min(o.row + n, o.ring.rows - 1)
    decreases n
  {
    hide Ready, NewLine;
    if n > 0 {
      NewLinesTrack(o, n - 1, style);
      NewLineTracks(NewLines(o, n - 1, style), style, false);
    }
  }

  lemma WrapTracks(o: Output, width: nat, style: Style)
    requires Ready(o) && Anchored(o) && width <= 2
    ensures Tracks(o, WrapIfFull(o, width, style), 0)
  {
    hide NewLine;
    if o.col + width > o.ring.cols {
      NewLineTracks(o.(ring := SetLineWrap(o.ring, o.row, true)), style, true);
    }
  }

  lemma PlaceTracks(o: Output, item: Item)
    requires CanPlace(o, item.glyph) && Anchored(o)
    ensures Tracks(o, Place(o, item), 0) && Place(o, item).row == o.row
            && Place(o, item).col == o.col + item.glyph.width
  {
    hide Put, BlankFrom;
  }

  lemma FeedTracks(o: Output, item: Item, style: Style)
    requires Ready(o) && Anchored(o) && ValidGlyph(item.glyph) && (item.glyph.width == 0 ==> 0 < o.col)
    ensures Tracks(o, Feed(o, item, false, style), 0)
  {
    hide Ready, WrapIfFull, Place;
    WrapTracks(o, item.glyph.width, style);
    PlaceTracks(WrapIfFull(o, item.glyph.width, style), item);
  }

  /** The character under the cursor. */
  lemma FeedHere(o: Output, item: Item, style: Style)
    requires Ready(o) && Anchored(o) && ValidGlyph(item.glyph) && 0 < item.glyph.width
    ensures var o' := Feed(o, item, true, style);
            && Anchored(o') && o'.ring.rows == o.ring.rows && o'.placed
            && o'.cursorRow == o'.row && o'.cursorCol == o'.col - item.glyph.width
  {
    hide Ready, WrapIfFull, Place;
    WrapTracks(o, item.glyph.width, style);
    PlaceTracks(WrapIfFull(o, item.glyph.width, style), item);
  }

  lemma {:induction false} FeedAllTracks(o: Output, items: seq<Item>, oldCol: nat, style: Style)
    requires Feedable(o, items) && Anchored(o)
    ensures Tracks(o, FeedAll(o, items, oldCol, None, style), 0)
    decreases |items|
  {
    hide Ready, Feed;
    if items != [] {
      FeedTracks(o, items[0], style);
      FeedAllTracks(Feed(o, items[0], false, style), items[1..], oldCol + items[0].glyph.width, style);
    }
  }

  // ----- The row of the cursor -----

  /** A character begins in the column of the cursor. */
  predicate Hits(items: seq<Item>, oldCol: nat, c: int)
    requires AllValid(items)
    decreases |items|
  {
    && items != []
    && ((c == oldCol && items[0].glyph.width > 0)
        || (assert ValidGlyph(items[0].glyph); Hits(items[1..], oldCol + items[0].glyph.width, c)))
  }

  lemma {:induction false} HitsAfter(items: seq<Item>, oldCol: nat, c: int)
    requires AllValid(items) && c < oldCol
    ensures !Hits(items, oldCol, c)
    decreases |items|
  {
    if items != [] {
      assert ValidGlyph(items[0].glyph);
      HitsAfter(items[1..], oldCol + items[0].glyph.width, c);
    }
  }

  lemma {:induction false} HitsBefore(a: seq<Item>, b: seq<Item>, oldCol: nat, c: int)
    requires AllValid(a) && AllValid(b) && 0 <= Width(a) && oldCol + Width(a) <= c
    ensures AllValid(a + b) && Hits(a + b, oldCol, c) == Hits(b, oldCol + Width(a), c)
    decreases |a|
  {
    hide Width;
    if a == [] {
      assert a + b == b;
      WidthOfNothing();
    } else {
      assert ValidGlyph(a[0].glyph);
      WidthHead(a);
      WidthNonNegative(a[1..]);
      HitsBefore(a[1..], b, oldCol + a[0].glyph.width, c);
      assert (a + b)[0] == a[0] && (a + b)[1..] == a[1..] + b;
    }
  }

  predicate OnCharacter(line: Line, c: int) {
    0 <= c < |line.cells| && line.cells[c].text != []
  }

  /** The character in a column. */
  function CharacterAt(line: Line, c: int): (item: Item)
    requires OnCharacter(line, c)
    ensures 1 <= item.glyph.width <= 2
  {
    Item(Glyph(line.cells[c].text[0], if IsTail(line.cells, c + 1) then 2 else 1), line.cells[c].style)
  }

  lemma HitsIff(line: Line, c: int)
    requires WellFormed(line.cells)
    ensures AllValid(RowItems(line, true)) && Hits(RowItems(line, true), 0, c) == OnCharacter(line, c)
    ensures OnCharacter(line, c) ==>
              var s := Cut(RowItems(line, true), 0, Some(c)); s != [] && s[|s| - 1] == CharacterAt(line, c)
  {
    hide Width, Items, Cut, CellItems;
    var cells := line.cells;
    var all := Items(cells, |cells|);
    assert all + [] == all;
    if c < 0 {
      HitsAfter(all, 0, c);
    } else if |cells| <= c {
      ItemsWidth(cells, |cells|);
      HitsBefore(all, [], 0, c);
    } else {
      var start := if cells[c].text != [] then c else c - 1;
      var rest := ItemsSplit(cells, start);
      var before := Items(cells, start);
      ItemsWidth(cells, start);
      HitsBefore(before, rest, 0, c);
      if start == c {
        CutBefore(before, rest, 0, c);
        CutHere(rest, c);
      } else {
        HitsAfter(rest[1..], start + 2, c);
      }
    }
  }

  lemma {:induction false} CutShape(items: seq<Item>, oldCol: nat, c: int)
    requires AllValid(items) && Hits(items, oldCol, c)
    ensures var s := Cut(items, oldCol, Some(c)); s != [] && s[|s| - 1].glyph.width > 0
    decreases |items|
  {
    assert ValidGlyph(items[0].glyph);
    if !(c == oldCol && items[0].glyph.width > 0) {
      CutShape(items[1..], oldCol + items[0].glyph.width, c);
    }
  }

  /** Copying the row of the cursor records where its character is written, if there is one. */
  lemma {:induction false} FeedAllPlaces(o: Output, items: seq<Item>, oldCol: nat, c: int, style: Style)
    requires Feedable(o, items) && Anchored(o) && AllValid(items)
    ensures var o' := FeedAll(o, items, oldCol, Some(c), style);
            && Anchored(o') && o'.ring.rows == o.ring.rows
            && if Hits(items, oldCol, c) then
                 var s := Cut(items, oldCol, Some(c));
                 && s != [] && o'.placed && o'.cursorRow == o'.row
                 && o'.cursorCol == o'.col - s[|s| - 1].glyph.width
               else o'.placed == o.placed
    decreases |items|
  {
    hide Ready, Feed;
    if items != [] {
      assert ValidGlyph(items[0].glyph);
      if c == oldCol && items[0].glyph.width > 0 {
        FeedHere(o, items[0], style);
      } else {
        FeedTracks(o, items[0], style);
        FeedAllPlaces(Feed(o, items[0], false, style), items[1..], oldCol + items[0].glyph.width, c, style);
        if Hits(items, oldCol, c) {
          CutShape(items[1..], oldCol + items[0].glyph.width, c);
        }
      }
    }
  }

  // ----- Whole rows -----

  lemma SizeOfPage(o: Output, p: Page, style: Style)
    requires Typed(o, p, style)
    ensures Ready(o) && o.row < o.ring.rows && Base(o) + o.row == |p.full| && o.col == Width(p.tail)
  {
    hide AllLines, RowCells, Stale, Window, Spare, BlankFrom, Valid;
  }

  /** A row without the cursor, or after the cursor has been placed. */
  lemma CopyLineTracks(q: Progress, line: Line, last: bool, style: Style)
    requires Ready(q.out) && Anchored(q.out) && q.out.row < q.out.ring.rows && WellFormed(line.cells)
    ensures var q' := CopyLine(q, line, None, last, style);
            && Tracks(q.out, q'.out, if IsBlank(line) then 0 else Over(q.out, q.skipped))
            && q'.skipped == if IsBlank(line) then q.skipped + 1 else 0
  {
    hide Ready, NewLine, NewLines, FeedAll, RowItems, IsBlank;
    if !IsBlank(line) {
      NewLinesTrack(q.out, q.skipped, style);
      var o1 := NewLines(q.out, q.skipped, style);
      FeedAllTracks(o1, RowItems(line, false), 0, style);
      var o2 := FeedAll(o1, RowItems(line, false), 0, None, style);
      NewLineTracks(o2, style, true);
    }
  }

  /** The row of the cursor: p is the page that its part up to the cursor leaves. */
  lemma CopyCursorLine(q: Progress, p0: Page, line: Line, c: int, last: bool, style: Style)
    requires Typed(q.out, p0, style) && Anchored(q.out) && !q.out.placed && WellFormed(line.cells)
             && 0 < |q.out.ring.view|
    requires 2 <= q.out.ring.cols
    ensures LineOfItems(RowPart(line, Some(c)))
    ensures var q' := CopyLine(q, line, Some(c), last, style); var cols, total := q.out.ring.cols, |q.out.ring.view|;
            var p := TypeAll(EndRows(p0, q.skipped, cols, total, style), RowPart(line, Some(c)), cols, style);
            && q'.skipped == 0 && Anchored(q'.out) && q'.out.ring.rows == q.out.ring.rows
            && q'.out.placed == OnCharacter(line, c)
            && (OnCharacter(line, c) ==>
                  && Base(q'.out) + q'.out.cursorRow == |p.full| <= Base(q'.out) + q'.out.row
                  && q'.out.cursorCol == Width(p.tail) - CharacterAt(line, c).glyph.width)
  {
    hide Typed, Ready, NewLine, NewLines, FeedAll, TypeAll, EndRows, RowItems, Cut, PageOk, Hits, Width;
    TypedParts(q.out, p0, style);
    SizeOfPage(q.out, p0, style);
    PartIsLine(line, Some(c));
    var cols, total := q.out.ring.cols, |q.out.ring.view|;
    NewLinesTyped(q.out, p0, q.skipped, style);
    NewLinesTrack(q.out, q.skipped, style);
    var o1, p1 := NewLines(q.out, q.skipped, style), EndRows(p0, q.skipped, cols, total, style);
    var items := RowItems(line, true);
    RowItemsLine(line, true);
    HitsIff(line, c);
    FeedAllTyped(o1, p1, items, 0, Some(c), style);
    FeedAllPlaces(o1, items, 0, c, style);
    var o2, p2 := FeedAll(o1, items, 0, Some(c), style), TypeAll(p1, RowPart(line, Some(c)), cols, style);
    SizeOfPage(o2, p2, style);
    NewLineTracks(o2, style, true);
  }

  // ----- All rows -----

  /** The page that the old rows down to the character under the cursor leave. */
  function CursorPage(lines: seq<Line>, cursorLine: nat, cursorCol: int, cols: nat, total: nat, style: Style): (p: Page)
    requires WellFormedLines(lines) && cursorLine < |lines| && 2 <= cols && 0 < total
    ensures PageOk(p, cols)
  {
    hide TypeLines, RowPart, LogicalLines, TypeAll;
    LogicalAreLines(lines, cursorLine, cursorLine, cursorCol);
    PartIsLine(lines[cursorLine], Some(cursorCol));
    TypeAll(TypeLines(LogicalLines(lines, cursorLine, cursorLine, cursorCol), cols, total, style),
            RowPart(lines[cursorLine], Some(cursorCol)), cols, style)
  }

  /** The row of the page on which old row i begins. */
  function StartRow(lines: seq<Line>, i: nat, cursorLine: int, cursorCol: int, cols: nat, total: nat, style: Style): nat
    requires WellFormedLines(lines) && i <= |lines| && 2 <= cols && 0 < total
  {
    LogicalAreLines(lines, i, cursorLine, cursorCol);
    |TypeLines(LogicalLines(lines, i, cursorLine, cursorCol), cols, total, style).full|
  }

  /** Text begins after blank rows below the cursor. */
  predicate AfterBlanks(lines: seq<Line>, i: nat, cursorLine: nat)
    requires i < |lines|
  {
    cursorLine + 1 < i && !IsBlank(lines[i]) && IsBlank(lines[i - 1])
  }

  /** Such text begins on the first screen of the new rows. */
  predicate NoDrift(lines: seq<Line>, n: nat, cursorLine: nat, cursorCol: int, cols: nat, rows: nat, total: nat,
                    style: Style)
    requires WellFormedLines(lines) && n <= |lines| && 2 <= cols && 0 < total
  {
    forall i :: 0 <= i < n && AfterBlanks(lines, i, cursorLine) ==>
                  StartRow(lines, i, cursorLine, cursorCol, cols, total, style) < rows
  }

  predicate Begins(q: Progress, cols: nat, total: nat, style: Style) {
    StartsAs(q, cols, total, style) && Ready(q.out) && Anchored(q.out)
  }

  lemma {:induction false} AnchoredBefore(q: Progress, lines: seq<Line>, n: nat, cursorLine: int, cursorCol: int,
                                          style: Style)
    requires Ready(q.out) && Anchored(q.out) && n <= |lines| && WellFormedLines(lines) && n <= cursorLine
    ensures var q' := CopyLines(q, lines, n, cursorLine, cursorCol, style);
            Anchored(q'.out) && q'.out.ring.rows == q.out.ring.rows
    decreases n
  {
    hide Ready, CopyLine, Anchored;
    if n > 0 {
      AnchoredBefore(q, lines, n - 1, cursorLine, cursorCol, style);
      var q1 := CopyLines(q, lines, n - 1, cursorLine, cursorCol, style);
      RowInside(q1.out);
      CopyLineTracks(q1, lines[n - 1], n == |lines|, style);
    }
  }

  lemma RowInside(o: Output)
    requires Ready(o)
    ensures o.row < o.ring.rows
  {
  }

  /** The recorded cursor: d rows below its character, where d is 0 exactly if there was no drift. */
  lemma {:induction false} CursorTracked(q: Progress, lines: seq<Line>, n: nat, cursorLine: nat, cursorCol: int,
                                         cols: nat, rows: nat, total: nat, style: Style)
    returns (d: nat)
    requires Begins(q, cols, total, style) && cursorLine < n <= |lines| && WellFormedLines(lines)
             && q.out.ring.rows == rows
    requires OnCharacter(lines[cursorLine], cursorCol)
    ensures var q' := CopyLines(q, lines, n, cursorLine, cursorCol, style);
            var p := CursorPage(lines, cursorLine, cursorCol, cols, total, style);
            && q'.out.placed && Anchored(q'.out) && q'.out.ring.rows == rows
            && Base(q'.out) + q'.out.cursorRow == |p.full| + d && |p.full| <= Base(q'.out) + q'.out.row
            && q'.out.cursorCol == Width(p.tail) - CharacterAt(lines[cursorLine], cursorCol).glyph.width
            && (q'.skipped > 0 <==> cursorLine < n - 1 && IsBlank(lines[n - 1]))
    ensures d == 0 <==> NoDrift(lines, n, cursorLine, cursorCol, cols, rows, total, style)
    decreases n
  {
    hide Typed, Ready, CopyLine, IsBlank, Anchored, TypeLines, LogicalLines, OnCharacter, RowPart, EndRows, StartRow,
         PageOk,
         TypeAll;
    var q1 := CopyLines(q, lines, n - 1, cursorLine, cursorCol, style);
    var line := lines[n - 1];
    var p1, k := CopyLinesTyped(q, lines, n - 1, cursorLine, cursorCol, cols, total, style);
    RowInside(q1.out);
    if n - 1 == cursorLine {
      NotPlacedBefore(q, lines, n - 1, cursorLine, cursorCol, style);
      AnchoredBefore(q, lines, n - 1, cursorLine, cursorCol, style);
      CopyCursorLine(q1, p1, line, cursorCol, n == |lines|, style);
      d := 0;
    } else {
      d := CursorTracked(q, lines, n - 1, cursorLine, cursorCol, cols, rows, total, style);
      CopyLineTracks(q1, line, n == |lines|, style);
      NoDriftStep(lines, n - 1, cursorLine, cursorCol, cols, rows, total, style);
      DriftHere(q1, p1, lines, n - 1, cursorLine, cursorCol, cols, rows, total, style);
      if !IsBlank(line) {
        d := d + Over(q1.out, q1.skipped);
      }
    }
  }

  lemma NoDriftStep(lines: seq<Line>, n: nat, cursorLine: nat, cursorCol: int, cols: nat, rows: nat, total: nat,
                    style: Style)
    requires WellFormedLines(lines) && n < |lines| && 2 <= cols && 0 < total
    ensures NoDrift(lines, n + 1, cursorLine, cursorCol, cols, rows, total, style)
            <==> NoDrift(lines, n, cursorLine, cursorCol, cols, rows, total, style)
                 && (AfterBlanks(lines, n, cursorLine) ==>
                       StartRow(lines, n, cursorLine, cursorCol, cols, total, style) < rows)
  {
    hide StartRow, AfterBlanks;
  }

  /** Blank rows that are written before text scroll exactly if the text does not begin on the first screen. */
  lemma DriftHere(q: Progress, p: Page, lines: seq<Line>, n: nat, cursorLine: nat, cursorCol: int, cols: nat, rows: nat,
                  total: nat, style: Style)
    requires WellFormedLines(lines) && cursorLine < n < |lines| && 2 <= cols && 0 < total && PageOk(p, cols)
    requires Typed(q.out, p, style) && Anchored(q.out) && q.out.ring.rows == rows && q.out.row < rows
    requires LinesOfItems(LogicalLines(lines, n, cursorLine, cursorCol))
    requires EndRows(p, q.skipped, cols, total, style)
             == TypeLines(LogicalLines(lines, n, cursorLine, cursorCol), cols, total, style)
    requires q.skipped > 0 <==> cursorLine < n - 1 && IsBlank(lines[n - 1])
    ensures !IsBlank(lines[n]) ==>
              (Over(q.out, q.skipped) == 0
               <==> (AfterBlanks(lines, n, cursorLine) ==>
                       StartRow(lines, n, cursorLine, cursorCol, cols, total, style) < rows))
  {
    hide Typed, TypeLines, LogicalLines, IsBlank, EndRows, PageOk;
    SizeOfPage(q.out, p, style);
    EndedSize(p, q.skipped, cols, total, style);
  }

  lemma {:induction false} EndedSize(p: Page, n: nat, cols: nat, total: nat, style: Style)
    requires PageOk(p, cols) && 0 < total
    ensures |EndRows(p, n, cols, total, style).full| == |p.full| + n
    decreases n
  {
    hide PageOk, EndRow;
    if n > 0 {
      EndedSize(p, n - 1, cols, total, style);
      EndRowGrows(EndRows(p, n - 1, cols, total, style), cols, total, style);
    }
  }

  // ----- What is written where the cursor was recorded -----

  /** A row has a character, without combining ones, in column c. */
  predicate HasAt(cells: seq<Cell>, c: int, item: Item) {
    && 0 <= c < |cells| && c + item.glyph.width <= |cells| && cells[c] == Cell([item.glyph.codePoint], item.style)
    && (item.glyph.width == 2 ==> IsTail(cells, c + 1)) && (item.glyph.width == 1 ==> !IsTail(cells, c + 1))
  }

  /** A page has it on row a, and what is typed next goes to the right of it or below it. */
  predicate PageHas(p: Page, a: nat, c: int, item: Item, cols: nat, style: Style)
    requires PageOk(p, cols)
  {
    if a < |p.full| then HasAt(p.full[a].cells, c, item)
    else a == |p.full| && c + item.glyph.width <= Width(p.tail) && HasAt(RowCells(p.tail, cols, style), c, item)
  }

  lemma PutKeepsCharacter(cells: seq<Cell>, w: nat, g: Glyph, style: Style, c: int, item: Item)
    requires WellFormed(cells) && ValidGlyph(g) && BlankFrom(cells, w) && w + g.width <= |cells|
    requires HasAt(cells, c, item) && 1 <= item.glyph.width <= 2 && c + item.glyph.width <= w
    requires g.width == 0 ==> c + item.glyph.width < w
    ensures HasAt(Put(cells, if g.width == 0 then w - 1 else w, g, style), c, item)
  {
  }

  /** The next code point is not one that combines with the character. */
  predicate Apart(p: Page, a: nat, c: int, item: Item, next: Item) {
    next.glyph.width == 0 && a == |p.full| ==> c + item.glyph.width < Width(p.tail)
  }

  lemma TypeKeepsCharacter(p: Page, a: nat, c: int, item: Item, next: Item, cols: nat, style: Style)
    requires PageOk(p, cols) && MayFollow(p, next) && 2 <= cols && 1 <= item.glyph.width <= 2
    requires PageHas(p, a, c, item, cols, style) && Apart(p, a, c, item, next)
    ensures var p' := Type(p, next, cols, style);
            && PageHas(p', a, c, item, cols, style)
            && (a == |p'.full| ==> c + item.glyph.width < Width(p'.tail))
  {
    hide RowCells, Put, Width, HasAt;
    var w := Width(p.tail);
    PageWidth(p, cols);
    TailWidth(p.tail, next);
    if a == |p.full| && w + next.glyph.width <= cols {
      TailFits(p, next, cols, style);
      HasInside(RowCells(p.tail, cols, style), c, item);
      PutKeepsCharacter(RowCells(p.tail, cols, style), w, next.glyph, next.style, c, item);
    }
  }

  lemma HasInside(cells: seq<Cell>, c: int, item: Item)
    requires HasAt(cells, c, item)
    ensures 0 <= c
  {
  }

  lemma {:induction false} TypeAllKeepsCharacter(p: Page, a: nat, c: int, item: Item, items: seq<Item>, cols: nat,
                                                 style: Style)
    requires PageOk(p, cols) && AllMayFollow(p, items) && 2 <= cols && 1 <= item.glyph.width <= 2
    requires PageHas(p, a, c, item, cols, style) && (items != [] ==> Apart(p, a, c, item, items[0]))
    ensures PageHas(TypeAll(p, items, cols, style), a, c, item, cols, style)
    decreases |items|
  {
    hide Type, PageHas, Width, PageOk;
    if items != [] {
      TypeStep(p, items, cols, style);
      TypeKeepsCharacter(p, a, c, item, items[0], cols, style);
      TypeAllKeepsCharacter(Type(p, items[0], cols, style), a, c, item, items[1..], cols, style);
    }
  }

  lemma EndRowKeepsCharacter(p: Page, a: nat, c: int, item: Item, cols: nat, total: nat, style: Style)
    requires PageOk(p, cols) && 0 < total && PageHas(p, a, c, item, cols, style)
    ensures PageHas(EndRow(p, cols, total, style), a, c, item, cols, style)
  {
    hide RowCells, HasAt, Width, FitsRow;
  }

  lemma PutHas(cells: seq<Cell>, w: nat, item: Item)
    requires WellFormed(cells) && BlankFrom(cells, w) && 1 <= item.glyph.width <= 2 && w + item.glyph.width <= |cells|
    ensures HasAt(Put(cells, w, item.glyph, item.style), w, item)
  {
  }

  /** A page that ends with a character. */
  lemma LastCharacter(p: Page, cols: nat, style: Style)
    requires PageOk(p, cols) && p.tail != [] && 1 <= p.tail[|p.tail| - 1].glyph.width <= 2
    ensures var item := p.tail[|p.tail| - 1];
            PageHas(p, |p.full|, Width(p.tail) - item.glyph.width, item, cols, style)
  {
    hide Put, HasAt;
    var n := |p.tail| - 1;
    FitsPrefix(p.tail, cols);
    PutHas(RowCells(p.tail[..n], cols, style), Width(p.tail[..n]), p.tail[n]);
  }

  /** One more old row. */
  lemma TypedStep(lines: seq<Line>, n: nat, cursorLine: int, cursorCol: int, cols: nat, total: nat, style: Style)
    requires WellFormedLines(lines) && n < |lines| && 2 <= cols && 0 < total
    ensures LinesOfItems(LogicalLines(lines, n, cursorLine, cursorCol))
            && LinesOfItems(LogicalLines(lines, n + 1, cursorLine, cursorCol))
    ensures LineOfItems(RowPart(lines[n], CursorOn(n, cursorLine, cursorCol)))
    ensures var p := TypeLines(LogicalLines(lines, n, cursorLine, cursorCol), cols, total, style);
            var p1 := TypeAll(p, RowPart(lines[n], CursorOn(n, cursorLine, cursorCol)), cols, style);
            TypeLines(LogicalLines(lines, n + 1, cursorLine, cursorCol), cols, total, style)
            == if EndsLine(lines[n], CursorOn(n, cursorLine, cursorCol)) then EndRow(p1, cols, total, style) else p1
  {
    hide TypeLines, TypeAll, EndRow, RowPart, EndsLine, LogicalLines, LineOfItems;
    var c := CursorOn(n, cursorLine, cursorCol);
    LogicalAreLines(lines, n, cursorLine, cursorCol);
    LogicalAreLines(lines, n + 1, cursorLine, cursorCol);
    LogicalStep(lines, n, cursorLine, cursorCol);
    PartIsLine(lines[n], c);
    var s := LogicalLines(lines, n, cursorLine, cursorCol);
    TypeLonger(s, RowPart(lines[n], c), cols, total, style);
    TypeEmptyLine(s[|s| - 1 := s[|s| - 1] + RowPart(lines[n], c)], cols, total, style);
  }

  /** The part of the row of the cursor ends with the character under it. */
  lemma CursorPageTail(lines: seq<Line>, cursorLine: nat, cursorCol: int, cols: nat, total: nat, style: Style)
    requires WellFormedLines(lines) && cursorLine < |lines| && 2 <= cols && 0 < total
    requires OnCharacter(lines[cursorLine], cursorCol)
    ensures var p := CursorPage(lines, cursorLine, cursorCol, cols, total, style);
            && p.tail != [] && p.tail[|p.tail| - 1] == CharacterAt(lines[cursorLine], cursorCol)
            && PageHas(p, |p.full|, Width(p.tail) - CharacterAt(lines[cursorLine], cursorCol).glyph.width,
                       CharacterAt(lines[cursorLine], cursorCol), cols, style)
  {
    hide TypeAll, TypeLines, LogicalLines, RowItems, Cut, PageHas, Width;
    var line := lines[cursorLine];
    LogicalAreLines(lines, cursorLine, cursorLine, cursorCol);
    PartIsLine(line, Some(cursorCol));
    HitsIff(line, cursorCol);
    TailOfTyped(TypeLines(LogicalLines(lines, cursorLine, cursorLine, cursorCol), cols, total, style),
                RowPart(line, Some(cursorCol)), cols, style);
    LastCharacter(CursorPage(lines, cursorLine, cursorCol, cols, total, style), cols, style);
  }

  /** What is typed later leaves the character where it is. */
  lemma {:induction false} CharacterStays(lines: seq<Line>, n: nat, cursorLine: nat, cursorCol: int, cols: nat,
                                          total: nat,
                                          style: Style)
    requires WellFormedLines(lines) && cursorLine < n <= |lines| && 2 <= cols && 0 < total
    requires OnCharacter(lines[cursorLine], cursorCol)
    ensures LinesOfItems(LogicalLines(lines, n, cursorLine, cursorCol))
    ensures var p, item := CursorPage(lines, cursorLine, cursorCol, cols, total, style),
            CharacterAt(lines[cursorLine], cursorCol);
            PageHas(TypeLines(LogicalLines(lines, n, cursorLine, cursorCol), cols, total, style), |p.full|,
                    Width(p.tail) - item.glyph.width, item, cols, style)
    decreases n
  {
    hide TypeAll, TypeLines, LogicalLines, PageHas, Width, RowPart, EndsLine, EndRow, PageOk, OnCharacter, CharacterAt,
         Apart;
    TypedStep(lines, n - 1, cursorLine, cursorCol, cols, total, style);
    var p, item := CursorPage(lines, cursorLine, cursorCol, cols, total,
                              style), CharacterAt(lines[cursorLine], cursorCol);
    var a, c := |p.full|, Width(p.tail) - item.glyph.width;
    var p0, part := TypeLines(LogicalLines(lines, n - 1, cursorLine, cursorCol), cols, total, style),
                    RowPart(lines[n - 1], CursorOn(n - 1, cursorLine, cursorCol));
    if n - 1 == cursorLine {
      CursorPageTail(lines, cursorLine, cursorCol, cols, total, style);
    } else {
      CharacterStays(lines, n - 1, cursorLine, cursorCol, cols, total, style);
      FirstApart(p0, a, c, item, part);
      TypeAllKeepsCharacter(p0, a, c, item, part, cols, style);
    }
    EndRowKeepsCharacter(TypeAll(p0, part, cols, style), a, c, item, cols, total, style);
  }

  lemma FirstApart(p: Page, a: nat, c: int, item: Item, part: seq<Item>)
    requires LineOfItems(part)
    ensures AllMayFollow(p, part) && (part != [] ==> Apart(p, a, c, item, part[0]))
  {
  }

  // ----- The number of columns changes: the cursor -----

  lemma {:induction false} NotPlacedAfter(q: Progress, lines: seq<Line>, n: nat, cursorLine: nat, cursorCol: int,
                                          cols: nat,
                                          total: nat, style: Style)
    requires Begins(q, cols, total, style) && cursorLine < n <= |lines| && WellFormedLines(lines)
    requires !OnCharacter(lines[cursorLine], cursorCol)
    ensures var q' := CopyLines(q, lines, n, cursorLine, cursorCol, style); !q'.out.placed && Anchored(q'.out)
    decreases n
  {
    hide Typed, Ready, CopyLine, IsBlank, Anchored, TypeLines, LogicalLines, OnCharacter, RowPart, EndRows, TypeAll,
         PageOk;
    var q1 := CopyLines(q, lines, n - 1, cursorLine, cursorCol, style);
    RowInside(q1.out);
    if n - 1 == cursorLine {
      var p1, _ := CopyLinesTyped(q, lines, n - 1, cursorLine, cursorCol, cols, total, style);
      NotPlacedBefore(q, lines, n - 1, cursorLine, cursorCol, style);
      AnchoredBefore(q, lines, n - 1, cursorLine, cursorCol, style);
      CopyCursorLine(q1, p1, lines[n - 1], cursorCol, n == |lines|, style);
    } else {
      NotPlacedAfter(q, lines, n - 1, cursorLine, cursorCol, cols, total, style);
      CopyLineTracks(q1, lines[n - 1], n == |lines|, style);
    }
  }

  /** The cursor is on a character, and not on its right half. */
  predicate CursorOnCharacter(r: Ring, row: nat, col: int)
    requires Valid(r)
  {
    row < r.rows && OnCharacter(r.view[row].value, col)
  }

  lemma CursorCharacter(r: Ring, row: nat, col: int)
    requires Valid(r)
    ensures WellFormedLines(AllLines(r)) && |AllLines(r)| == r.active + r.rows
    ensures row < r.rows ==> row < |r.view| && r.view[row] == Some(AllLines(r)[r.active + row])
  {
    LinesWellFormed(r);
    if row < r.rows {
      LineAt(r, r.active + row);
    }
  }

  lemma Beginning(newCols: nat, newRows: nat, newTotal: nat, style: Style)
    requires 2 <= newCols && 1 <= newRows <= newTotal
    ensures var q := Progress(Start(newCols, newRows, newTotal, style), 0);
            Begins(q, newCols, newTotal, style) && q.out.ring.rows == newRows
  {
    hide Typed;
    StartTyped(newCols, newRows, newTotal, style);
    StartSize(newCols, newRows, newTotal, style);
  }

  /** A cursor that is not on a character goes to the origin. */
  lemma SlowCursorLost(r: Ring, newCols: nat, newRows: nat, newTotal: nat, row: nat, col: int, style: Style, alt: bool)
    requires CanResize(r, newCols, newRows, newTotal, alt) && !IsFast(r, newCols, newRows)
    requires !CursorOnCharacter(r, row, col)
    ensures var s := Resize(r, newCols, newRows, newTotal, col, row, style, alt); s.col == 0 && s.row == 0
  {
    hide Valid, AllLines, CopyLines, Start, Typed, OnCharacter, Ready;
    CursorCharacter(r, row, col);
    Beginning(newCols, newRows, newTotal, style);
    var q, lines := Progress(Start(newCols, newRows, newTotal, style), 0), AllLines(r);
    if row < r.rows {
      NotPlacedAfter(q, lines, |lines|, r.active + row, col, newCols, newTotal, style);
    } else {
      NotPlacedBefore(q, lines, |lines|, r.active + row, col, style);
    }
    ReflowedSize(r, newCols, newRows, newTotal, row, col, style);
  }

  /** Where the character under the cursor is written: a row, counted from the first one written, and a column. */
  datatype Spot = Spot(row: nat, col: int)

  function Target(r: Ring, newCols: nat, newTotal: nat, row: nat, col: int, style: Style): Spot
    requires Valid(r) && CursorOnCharacter(r, row, col) && 2 <= newCols && 0 < newTotal
  {
    hide TypeAll, TypeLines, LogicalLines, RowPart, AllLines;
    CursorCharacter(r, row, col);
    var p := CursorPage(AllLines(r), r.active + row, col, newCols, newTotal, style);
    Spot(|p.full|, Width(p.tail) - CharacterAt(r.view[row].value, col).glyph.width)
  }

  /** Below the cursor, all text that comes after blank rows begins on the first screen of the new rows. */
  predicate Steady(r: Ring, newCols: nat, newRows: nat, newTotal: nat, row: nat, col: int, style: Style)
    requires Valid(r) && 2 <= newCols && 0 < newTotal
  {
    LinesWellFormed(r);
    NoDrift(AllLines(r), |AllLines(r)|, r.active + row, col, newCols, newRows, newTotal, style)
  }

  /** The character under the cursor is on the row and in the column where it was written. */
  lemma TargetWritten(r: Ring, newCols: nat, newRows: nat, newTotal: nat, row: nat, col: int, style: Style)
    requires Valid(r) && 2 <= newCols && 1 <= newRows <= newTotal && CursorOnCharacter(r, row, col)
    ensures var o, t := Reflowed(r, newCols, newRows, newTotal, row, col, style),
            Target(r, newCols, newTotal, row, col, style);
            t.row < |Whole(o)| && HasAt(Whole(o)[t.row].cells, t.col, CharacterAt(r.view[row].value, col))
  {
    hide Valid, AllLines, CopyLines, Start, Typed, OnCharacter, Ready, HasAt, TypeLines, LogicalLines, CharacterAt,
         CursorPage,
         EndRows, RowCells, Stale, PageOk, NoDrift;
    CursorCharacter(r, row, col);
    Beginning(newCols, newRows, newTotal, style);
    var q, lines, n := Progress(Start(newCols, newRows, newTotal, style), 0), AllLines(r), r.active + row;
    var o := Reflowed(r, newCols, newRows, newTotal, row, col, style);
    var d := CursorTracked(q, lines, |lines|, n, col, newCols, newRows, newTotal, style);
    var p, k := CopyLinesTyped(q, lines, |lines|, n, col, newCols, newTotal, style);
    SizeOfPage(o, p, style);
    WholePage(o, p, style);
    EndedRows(p, k, newCols, newTotal, style);
    CharacterStays(lines, |lines|, n, col, newCols, newTotal, style);
    var t := Target(r, newCols, newTotal, row, col, style);
    var p' := EndRows(p, k, newCols, newTotal, style);
    PageRow(p', t.row, t.col, CharacterAt(r.view[row].value, col), newCols, newTotal, style);
    assert Rows(p, newCols, newTotal, style)[t.row] == Rows(p', newCols, newTotal, style)[t.row];
    assert Whole(o)[t.row] == Rows(p, newCols, newTotal, style)[t.row];
  }

  lemma PageRow(p: Page, a: nat, c: int, item: Item, cols: nat, total: nat, style: Style)
    requires PageOk(p, cols) && 0 < total && PageHas(p, a, c, item, cols, style)
    ensures a <= |p.full| && HasAt(Rows(p, cols, total, style)[a].cells, c, item)
  {
    hide RowCells, HasAt, Stale;
  }

  /**
    A change of columns with the cursor on a character: the new cursor is where that character was written exactly if
    it has not left the screen and no text below it comes after blank rows and begins below the first screen.  In the
    first case the cursor otherwise goes to the origin, in the second it ends up below the character.
   */
  lemma SlowCursorIff(r: Ring, newCols: nat, newRows: nat, newTotal: nat, row: nat, col: int, style: Style, alt: bool)
    requires CanResize(r, newCols, newRows, newTotal, alt) && !IsFast(r, newCols, newRows)
    requires CursorOnCharacter(r, row, col)
    ensures var s := Resize(r, newCols, newRows, newTotal, col, row, style, alt);
            var top := Base(Reflowed(r, newCols, newRows, newTotal, row, col, style));
            var t := Target(r, newCols, newTotal, row, col, style);
            var steady := Steady(r, newCols, newRows, newTotal, row, col, style);
            && (top + s.row == t.row && s.col == t.col <==> steady && top <= t.row)
            && (steady && t.row < top ==> s.row == 0 && s.col == 0)
            && (!steady && top <= t.row ==> t.row < top + s.row && s.col == t.col)
  {
    hide Valid, AllLines, CopyLines, Start, Typed, OnCharacter, Ready, TypeLines, LogicalLines, CharacterAt,
         CursorPage, NoDrift;
    CursorCharacter(r, row, col);
    Beginning(newCols, newRows, newTotal, style);
    var q, lines, n := Progress(Start(newCols, newRows, newTotal, style), 0), AllLines(r), r.active + row;
    var o := Reflowed(r, newCols, newRows, newTotal, row, col, style);
    var d := CursorTracked(q, lines, |lines|, n, col, newCols, newRows, newTotal, style);
    ReflowedSize(r, newCols, newRows, newTotal, row, col, style);
  }

  /** And then it is on that character. */
  lemma SlowCursorCharacter(r: Ring, newCols: nat, newRows: nat, newTotal: nat, row: nat, col: int, style: Style,
                            alt: bool)
    requires CanResize(r, newCols, newRows, newTotal, alt) && !IsFast(r, newCols, newRows)
    requires CursorOnCharacter(r, row, col) && Steady(r, newCols, newRows, newTotal, row, col, style)
    requires Base(Reflowed(r, newCols, newRows, newTotal, row, col, style)) <= Target(r, newCols, newTotal, row, col,
                                                                                      style).row
    ensures var s := Resize(r, newCols, newRows, newTotal, col, row, style, alt);
            && Valid(s.ring) && 0 <= s.row < s.ring.rows
            && HasAt(s.ring.view[s.row].value.cells, s.col, CharacterAt(r.view[row].value, col))
  {
    hide Valid, AllLines, Reflowed, OnCharacter, Ready, HasAt, CharacterAt, Target, Steady;
    SlowCursorIff(r, newCols, newRows, newTotal, row, col, style, alt);
    TargetWritten(r, newCols, newRows, newTotal, row, col, style);
    ReflowedSize(r, newCols, newRows, newTotal, row, col, style);
    var o, t := Reflowed(r, newCols, newRows, newTotal, row, col, style), Target(r, newCols, newTotal, row, col, style);
    RowOfWhole(o, t.row);
  }

  lemma RowOfWhole(o: Output, a: nat)
    requires Ready(o) && Base(o) <= a < |Whole(o)|
    ensures a - Base(o) < o.ring.rows && o.ring.view[a - Base(o)] == Some(Whole(o)[a])
  {
    LineAt(o.ring, a - |o.lost|);
  }

  // ----- The window -----

  lemma ChangedSize(t: Term, cols: nat, rows: nat)
    ensures var t2 := SizeChanged(t, cols, rows);
            && t2.main == t.main && t2.alt == t.alt && t2.onAlt == t.onAlt && t2.col == t.col && t2.row == t.row
            && t2.Pen() == t.Pen() && t2.cols == cols && t2.rows == rows
  {
    hide SizeChanged;
  }

  lemma ResizedBuffer(t: Term)
    requires !t.onAlt && CanResize(t.main, t.cols, t.rows, |t.main.view|, false)
    ensures var t', s := ResizeScreen(t), Resize(t.main, t.cols, t.rows, |t.main.view|, t.col, t.row, t.Pen(), false);
            t'.main == s.ring && t'.col == s.col && t'.row == s.row
  {
    hide CanResize, Resize;
  }

  lemma MainParts(t: Term)
    requires Inv(t) && !t.onAlt
    ensures Valid(t.main) && 2 <= t.cols == t.main.cols && t.rows == t.main.rows && 0 < |t.main.view|
    ensures 0 <= t.col && 0 <= t.row < t.rows
  {
    hide Valid;
  }

  lemma Unchanged(t: Term)
    requires Inv(t) && CanResizeTo(t, t.cols, t.rows)
    ensures ResizeTerminal(t, t.cols, t.rows) == t
  {
    hide Inv, ResizeScreen;
  }

  lemma Changed(t: Term, cols: nat, rows: nat)
    requires Inv(t) && CanResizeTo(t, cols, rows) && !(t.rows == rows && t.cols == cols)
    ensures var t2 := SizeChanged(t, cols, rows);
            && CanResize(t2.Cur(), t2.cols, t2.rows, if t2.onAlt then t2.rows else |t2.main.view|, t2.onAlt)
            && ResizeTerminal(t, cols, rows) == ResizeScreen(t2)
  {
    hide Inv, ResizeScreen, SizeChanged, CanResize;
    SizeChangedOk(t, cols, rows);
  }

  /** The window of the main screen. */
  lemma ResizedWindow(t: Term, cols: nat, rows: nat)
    requires Inv(t) && !t.onAlt && CanResizeTo(t, cols, rows) && !(t.rows == rows && t.cols == cols)
    ensures CanResize(t.main, cols, rows, |t.main.view|, false)
    ensures var t', s := ResizeTerminal(t, cols, rows),
            Resize(t.main, cols, rows, |t.main.view|, t.col, t.row, t.Pen(), false);
            t'.main == s.ring && t'.col == s.col && t'.row == s.row
  {
    hide Inv, ResizeTerminal, ResizeScreen, SizeChanged, Resize, CanResize;
    ChangedSize(t, cols, rows);
    Changed(t, cols, rows);
    ResizedBuffer(SizeChanged(t, cols, rows));
  }

  /** A new number of rows: the cursor of the main screen keeps its line, or goes to the origin. */
  lemma WindowRowsCursor(t: Term, rows: nat)
    requires Inv(t) && !t.onAlt && CanResizeTo(t, t.cols, rows)
    ensures var t' := ResizeTerminal(t, t.cols, rows);
            if t.main.active + t.row < t'.main.active then t'.col == 0 && t'.row == 0
            else
              && t'.col == t.col && t'.main.active + t'.row == t.main.active + t.row
              && 0 <= t'.row < |t'.main.view| && 0 <= t.row < |t.main.view|
              && t'.main.view[t'.row] == t.main.view[t.row]
  {
    hide Inv, ResizeTerminal, Resize, IsFast;
    MainParts(t);
    if rows == t.rows {
      Unchanged(t);
    } else {
      ResizedWindow(t, t.cols, rows);
      FastCursor(t.main, rows, t.col, t.row, t.Pen());
    }
  }

  /** A new number of columns: when the cursor of the main screen stays on its character. */
  lemma WindowColumnsCursor(t: Term, cols: nat, rows: nat)
    requires Inv(t) && !t.onAlt && CanResizeTo(t, cols, rows) && cols != t.cols
    ensures Valid(t.main) && 0 <= t.row && 0 < |t.main.view|
    ensures var t', total := ResizeTerminal(t, cols, rows), |t.main.view|;
            if !CursorOnCharacter(t.main, t.row, t.col) then t'.col == 0 && t'.row == 0
            else
              var top := Base(Reflowed(t.main, cols, rows, total, t.row, t.col, t.Pen()));
              var spot := Target(t.main, cols, total, t.row, t.col, t.Pen());
              (top + t'.row == spot.row && t'.col == spot.col
               <==> Steady(t.main, cols, rows, total, t.row, t.col, t.Pen()) && top <= spot.row)
  {
    hide Inv, ResizeTerminal, Valid, Resize, CursorOnCharacter, Target, Steady, Reflowed, Ready;
    MainParts(t);
    ResizedWindow(t, cols, rows);
    if CursorOnCharacter(t.main, t.row, t.col) {
      SlowCursorIff(t.main, cols, rows, |t.main.view|, t.row, t.col, t.Pen(), false);
    } else {
      SlowCursorLost(t.main, cols, rows, |t.main.view|, t.row, t.col, t.Pen(), false);
    }
  }

  lemma ChangedMargins(t: Term, cols: nat, rows: nat)
    ensures var t' := SizeChanged(t, cols, rows);
            t'.top == (if rows == t.rows then t.top else 0) && t'.bottom == (if rows == t.rows then t.bottom else rows)
  {
    hide ResizedTabs;
    if t.rows == rows {
      assert t.cols == cols ==> SizeChanged(t, cols, rows) == t;
    } else {
      var t1 := t.(rows := rows, top := 0, bottom := rows);
      assert t1.cols == t.cols;
    }
  }

  lemma ChangedTabs(t: Term, cols: nat, rows: nat)
    requires |t.tabs| == t.cols
    ensures SizeChanged(t, cols, rows).tabs == if t.cols == cols then t.tabs else ResizedTabs(t.tabs, cols)
  {
    hide ResizedTabs;
  }

  /** Where a column has a tab stop in a window of a new width. */
  predicate StopAfter(t: Term, i: nat) {
    if i < |t.tabs| then t.tabs[i] else 0 < i && i % 8 == 0
  }

  lemma TabsKept(t: Term, cols: nat, tabs: seq<bool>)
    requires |t.tabs| == t.cols && tabs == if t.cols == cols then t.tabs else ResizedTabs(t.tabs, cols)
    ensures |tabs| == cols && forall i :: 0 <= i < cols ==> tabs[i] == StopAfter(t, i)
  {
  }

  lemma ScreenOnly(t: Term)
    requires CanResize(t.Cur(), t.cols, t.rows, if t.onAlt then t.rows else |t.main.view|, t.onAlt)
    ensures var t' := ResizeScreen(t);
            && t'.top == t.top && t'.bottom == t.bottom && t'.tabs == t.tabs
            && (if t.onAlt then t'.main == t.main else t'.alt == t.alt)
  {
    hide Resize, CanResize;
  }

  lemma TabsOk(t: Term)
    requires Inv(t)
    ensures |t.tabs| == t.cols
  {
    hide Valid;
  }

  /** A new number of rows resets the margins, columns keep their tab stops, and the other screen keeps its size. */
  lemma WindowSettings(t: Term, cols: nat, rows: nat)
    requires Inv(t) && CanResizeTo(t, cols, rows)
    ensures var t' := ResizeTerminal(t, cols, rows);
            && (if t.onAlt then t'.main == t.main else t'.alt == t.alt)
            && t'.top == (if rows == t.rows then t.top else 0)
            && t'.bottom == (if rows == t.rows then t.bottom else rows)
            && |t'.tabs| == cols && forall i :: 0 <= i < cols ==> t'.tabs[i] == StopAfter(t, i)
  {
    hide Inv, ResizeTerminal, ResizeScreen, SizeChanged, CanResize, StopAfter, ResizedTabs;
    TabsOk(t);
    TabsKept(t, cols, if t.cols == cols then t.tabs else ResizedTabs(t.tabs, cols));
    if t.rows == rows && t.cols == cols {
      Unchanged(t);
    } else {
      Changed(t, cols, rows);
      ChangedSize(t, cols, rows);
      ChangedMargins(t, cols, rows);
      ChangedTabs(t, cols, rows);
      ScreenOnly(SizeChanged(t, cols, rows));
    }
  }

  // ----- A cursor that drifts -----

  function LetterRow(c: int): Line {
    Line([Cell([c], NORMAL), Cell([SPACE], NORMAL)], false)
  }

  const EMPTY_ROW: Line := Line([Cell([SPACE], NORMAL), Cell([SPACE], NORMAL)], false)

  /** Two blank rows, a row with a, a blank row, a row with b and another blank row. */
  const DRIFT_ROWS: seq<Line> := [EMPTY_ROW, EMPTY_ROW, LetterRow(97), EMPTY_ROW, LetterRow(98), EMPTY_ROW]
  const DRIFT_RING: Ring :=
    Ring([Some(EMPTY_ROW), Some(EMPTY_ROW), Some(LetterRow(97)), Some(EMPTY_ROW), Some(LetterRow(98)), Some(EMPTY_ROW)],
         0, 0, 6, 2)

  function LetterItem(c: int): Item {
    Item(Glyph(c, 1), NORMAL)
  }

  lemma LetterItems(c: int)
    requires c != SPACE
    ensures !IsBlank(LetterRow(c)) && Items(LetterRow(c).cells, 2) == [LetterItem(c), LetterItem(SPACE)]
    ensures RowPart(LetterRow(c), None) == [LetterItem(c)] && RowPart(LetterRow(c), Some(0)) == [LetterItem(c)]
  {
    var cells := LetterRow(c).cells;
    assert cells[0].text[0] == c;
    assert CellItems(cells, 0) == [LetterItem(c)] && CellItems(cells, 1) == [LetterItem(SPACE)];
    assert Items(cells, 0) == [];
    assert Items(cells, 1) == [LetterItem(c)];
    var items := Items(cells, 2);
    assert items == [LetterItem(c), LetterItem(SPACE)] && items[..1] == [LetterItem(c)];
    CutNowhere(RowItems(LetterRow(c), false), 0);
  }

  lemma {:induction false} TypeAllFits(p: Page, items: seq<Item>, cols: nat, style: Style)
    requires PageOk(p, cols) && AllMayFollow(p, items) && 2 <= cols && Width(p.tail) + Width(items) <= cols
    ensures TypeAll(p, items, cols, style) == Page(p.full, p.tail + items)
    decreases |items|
  {
    hide Width, RowCells;
    if items == [] {
      assert p.tail + items == p.tail;
    } else {
      TypeStep(p, items, cols, style);
      WidthHead(items);
      WidthNonNegative(items[1..]);
      TailWidth(p.tail, items[0]);
      TypeAllFits(Page(p.full, p.tail + [items[0]]), items[1..], cols, style);
      assert p.tail + [items[0]] + items[1..] == p.tail + items;
    }
  }

  /** Lines that fit take one row each. */
  lemma {:induction false} ShortLines(s: seq<seq<Item>>, cols: nat, total: nat, style: Style)
    requires LinesOfItems(s) && s != [] && 2 <= cols && 0 < total && forall i :: 0 <= i < |s| ==> |s[i]| <= 1
    ensures |TypeLines(s, cols, total, style).full| == |s| - 1
    decreases |s|
  {
    hide TypeAll, Width, RowCells;
    var n := |s| - 1;
    WidthOfNothing();
    if s[n] != [] {
      TailWidth([], s[n][0]);
      assert s[n] == [s[n][0]] && ValidGlyph(s[n][0].glyph);
    }
    if n == 0 {
      TypeAllFits(Page([], []), s[0], cols, style);
    } else {
      ShortLines(s[..n], cols, total, style);
      TypeAllFits(EndRow(TypeLines(s[..n], cols, total, style), cols, total, style), s[n], cols, style);
    }
  }

  lemma DriftRingValid()
    ensures Valid(DRIFT_RING) && CursorOnCharacter(DRIFT_RING, 2, 0)
    ensures CharacterAt(LetterRow(97), 0) == LetterItem(97) && IsBlank(EMPTY_ROW)
  {
    var cells := LetterRow(97).cells;
    assert !IsTail(cells, 1);
  }

  lemma DriftValid()
    ensures Valid(DRIFT_RING) && AllLines(DRIFT_RING) == DRIFT_ROWS && WellFormedLines(DRIFT_ROWS)
    ensures CursorOnCharacter(DRIFT_RING, 2, 0) && CharacterAt(LetterRow(97), 0) == LetterItem(97)
    ensures IsBlank(EMPTY_ROW)
  {
    hide Valid, CursorOnCharacter, IsBlank, LetterRow, EMPTY_ROW, CharacterAt;
    DriftRingValid();
    LinesWellFormed(DRIFT_RING);
    assert Screen(DRIFT_RING) == DRIFT_ROWS;
  }

  lemma BlankRowLine(lines: seq<Line>, n: nat)
    requires n < |lines| && WellFormedLines(lines) && n != 2 && lines[n] == EMPTY_ROW && IsBlank(EMPTY_ROW)
    ensures LogicalLines(lines, n + 1, 2, 0) == LogicalLines(lines, n, 2, 0) + [[]]
  {
    hide LogicalLines, IsBlank;
    LogicalStep(lines, n, 2, 0);
    NoPart(lines[n]);
    var s := LogicalLines(lines, n, 2, 0);
    assert s[|s| - 1 := s[|s| - 1] + []] == s;
  }

  lemma LetterRowLine(lines: seq<Line>, n: nat, c: int)
    requires n < |lines| && WellFormedLines(lines) && lines[n] == LetterRow(c) && c != SPACE
    requires var s := LogicalLines(lines, n, 2, 0); s[|s| - 1] == []
    ensures var s := LogicalLines(lines, n, 2, 0);
            LogicalLines(lines, n + 1, 2, 0) == s[|s| - 1 := [LetterItem(c)]] + [[]]
  {
    assert [] + [LetterItem(c)] == [LetterItem(c)];
    hide LogicalLines, RowPart, IsBlank;
    LogicalStep(lines, n, 2, 0);
    LetterItems(c);
  }

  lemma DriftLines()
    ensures WellFormedLines(DRIFT_ROWS) && |DRIFT_ROWS| == 6 && DRIFT_ROWS[2] == LetterRow(97)
    ensures LogicalLines(DRIFT_ROWS, 2, 2, 0) == [[], [], []]
    ensures LogicalLines(DRIFT_ROWS, 4, 2, 0) == [[], [], [LetterItem(97)], [], []]
    ensures LogicalLines(DRIFT_ROWS, 5, 2, 0) == [[], [], [LetterItem(97)], [], [LetterItem(98)], []]
  {
    hide LogicalLines, IsBlank, EMPTY_ROW;
    DriftValid();
    var lines := DRIFT_ROWS;
    NoRowsYet(lines, 2, 0);
    BlankRowLine(lines, 0);
    BlankRowLine(lines, 1);
    LetterRowLine(lines, 2, 97);
    BlankRowLine(lines, 3);
    LetterRowLine(lines, 4, 98);
  }

  /** The rows that the example takes. */
  lemma DriftSizes()
    ensures WellFormedLines(DRIFT_ROWS) && |DRIFT_ROWS| == 6
    ensures |CursorPage(DRIFT_ROWS, 2, 0, 3, 6, NORMAL).full| == 2
    ensures Width(CursorPage(DRIFT_ROWS, 2, 0, 3, 6, NORMAL).tail) == 1
    ensures StartRow(DRIFT_ROWS, 4, 2, 0, 3, 6, NORMAL) == 4
    ensures StartRow(DRIFT_ROWS, 5, 2, 0, 3, 6, NORMAL) == 5
  {
    hide LogicalLines, TypeLines, Width, RowPart, DRIFT_ROWS, TypeAll;
    DriftLines();
    LogicalAreLines(DRIFT_ROWS, 2, 2, 0);
    LogicalAreLines(DRIFT_ROWS, 4, 2, 0);
    LogicalAreLines(DRIFT_ROWS, 5, 2, 0);
    ShortLines(LogicalLines(DRIFT_ROWS, 2, 2, 0), 3, 6, NORMAL);
    ShortLines(LogicalLines(DRIFT_ROWS, 4, 2, 0), 3, 6, NORMAL);
    ShortLines(LogicalLines(DRIFT_ROWS, 5, 2, 0), 3, 6, NORMAL);
    TailOfEmpty(LogicalLines(DRIFT_ROWS, 2, 2, 0), 3, 6);
    LetterItems(97);
    WidthOfNothing();
    TailWidth([], LetterItem(97));
    TypeAllFits(TypeLines(LogicalLines(DRIFT_ROWS, 2, 2, 0), 3, 6, NORMAL), [LetterItem(97)], 3, NORMAL);
  }

  lemma TailOfEmpty(s: seq<seq<Item>>, cols: nat, total: nat)
    requires LinesOfItems(s) && 1 < |s| && s[|s| - 1] == [] && 2 <= cols && 0 < total
    ensures TypeLines(s, cols, total, NORMAL).tail == []
  {
  }

  /**
    Six rows of two columns become four of three.  The a under the cursor ends up on the first row, but the cursor
    below it.
   */
  lemma CursorDrifts()
    ensures CanResize(DRIFT_RING, 3, 4, 6, false) && CursorOnCharacter(DRIFT_RING, 2, 0)
    ensures var s := Resize(DRIFT_RING, 3, 4, 6, 0, 2, NORMAL, false);
            && Valid(s.ring) && HasAt(s.ring.view[0].value.cells, 0, CharacterAt(LetterRow(97), 0))
            && s.col == 0 && 0 < s.row
  {
    hide Valid, AllLines, DRIFT_ROWS, Reflowed, HasAt, CharacterAt, OnCharacter, StartRow, IsBlank, CursorPage,
         NoDrift, Resize,
         TypeLines, LogicalLines;
    DriftValid();
    DriftSizes();
    DriftsThere();
    var o := Reflowed(DRIFT_RING, 3, 4, 6, 2, 0, NORMAL);
    DriftTop();
    SlowCursorIff(DRIFT_RING, 3, 4, 6, 2, 0, NORMAL, false);
    TargetWritten(DRIFT_RING, 3, 4, 6, 2, 0, NORMAL);
    ReflowedSize(DRIFT_RING, 3, 4, 6, 2, 0, NORMAL);
    RowOfWhole(o, 2);
    ResizedRing(DRIFT_RING, 3, 4, 6, 2, 0, NORMAL);
  }

  lemma ResizedRing(r: Ring, newCols: nat, newRows: nat, newTotal: nat, row: nat, col: int, style: Style)
    requires CanResize(r, newCols, newRows, newTotal, false) && !IsFast(r, newCols, newRows)
    ensures Resize(r, newCols, newRows, newTotal, col, row, style, false).ring
            == Reflowed(r, newCols, newRows, newTotal, row, col, style).ring
  {
  }

  lemma DriftsThere()
    ensures Valid(DRIFT_RING) && !Steady(DRIFT_RING, 3, 4, 6, 2, 0, NORMAL)
  {
    hide Valid, AllLines, StartRow;
    DriftValid();
    DriftSizes();
    LetterItems(98);
    assert AfterBlanks(DRIFT_ROWS, 4, 2);
  }

  lemma DriftTop()
    ensures Valid(DRIFT_RING) && Base(Reflowed(DRIFT_RING, 3, 4, 6, 2, 0, NORMAL)) == 2
  {
    hide Valid, AllLines, DRIFT_ROWS, CopyLines, Start, Typed, OnCharacter, Ready, TypeLines, LogicalLines, CursorPage,
         NoDrift,
         EndRows, IsBlank;
    DriftValid();
    DriftSizes();
    DriftShape();
    Beginning(3, 4, 6, NORMAL);
    var q := Progress(Start(3, 4, 6, NORMAL), 0);
    var d := CursorTracked(q, DRIFT_ROWS, 5, 2, 0, 3, 4, 6, NORMAL);
    var p, k := CopyLinesTyped(q, DRIFT_ROWS, 5, 2, 0, 3, 6, NORMAL);
    NoRowsEnded(p, 3, 6, NORMAL);
    var q5 := CopyLines(q, DRIFT_ROWS, 5, 2, 0, NORMAL);
    SizeOfPage(q5.out, p, NORMAL);
    LastIsSkipped(q, DRIFT_ROWS, 2, 0, NORMAL);
  }

  lemma DriftShape()
    ensures |DRIFT_ROWS| == 6 && DRIFT_ROWS[2] == LetterRow(97) && DRIFT_ROWS[4] == LetterRow(98)
    ensures DRIFT_ROWS[5] == EMPTY_ROW && !IsBlank(LetterRow(98))
  {
    LetterItems(98);
  }

  lemma LastIsSkipped(q: Progress, lines: seq<Line>, cursorLine: int, cursorCol: int, style: Style)
    requires Ready(q.out) && WellFormedLines(lines) && lines != [] && cursorLine != |lines| - 1
    requires IsBlank(lines[|lines| - 1])
    ensures CopyLines(q, lines, |lines|, cursorLine, cursorCol, style).out
            == CopyLines(q, lines, |lines| - 1, cursorLine, cursorCol, style).out
  {
    hide Ready, CopyLine, IsBlank;
    var n := |lines| - 1;
    SkippedRow(CopyLines(q, lines, n, cursorLine, cursorCol, style), lines[n], true, style);
  }
}
